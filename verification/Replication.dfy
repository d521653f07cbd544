/** A terminal, a channel that delivers what the terminal sends in order and without loss,
    a server, and a viewer: every interleaving of their steps. */
module Replication {
  import opened Bytes
  import opened HostRuns
  import opened HostSender
  import opened Ledger
  import opened Numbers
  import opened Protocol
  import opened ShellStore
  import opened StreamSender
  import Subscriber

  /** `stream` is all that the terminal has produced, `highest` the highest position its
      cursor ever had, `reported` the positions that the server has ever reported. */
  datatype System = System(
    stream: Bytes, host: Host, highest: nat, channel: seq<Message>,
    server: Subscriber.Server, reported: set<nat>)

  /** Reports may reach the terminal late, repeatedly, in any order, or never. */
  datatype Move = Produce(data: Bytes) | Deliver | Report | Handle(position: nat) | View

  function Initial(chunkNum: int): System {
    System([], INITIAL, 0, [], Subscriber.NewServer(chunkNum), {})
  }

  function Next(s: System, move: Move): System {
    match move
    case Produce(data) =>
      if s.host.failed then s
      else
        var r := AfterRead(s.host, data);
        s.(stream := s.stream + data, host := r.host,
           highest := Max(s.highest, r.host.seqNum),
           channel := s.channel + (if r.sent.Some? then [r.sent.value] else []))
    case Deliver =>
      if s.channel == [] then s
      else s.(channel := s.channel[1..], server := Subscriber.Step(s.server, Subscriber.Add(s.channel[0])))
    case Report => s.(reported := s.reported + {s.server.store.seqNum})
    case Handle(position) => if position in s.reported then s.(host := AfterSync(s.host, position)) else s
    case View => s.(server := Subscriber.Step(s.server, Subscriber.Look))
  }

  function Run(s: System, moves: seq<Move>): System {
    if moves == [] then s
    else Next(Run(s, moves[..|moves| - 1]), moves[|moves| - 1])
  }

  // --- The channel ---

  /** Where the server will be when everything in the channel has been delivered. */
  function Arrived(position: nat, channel: seq<Message>): nat {
    if channel == [] then position
    else
      Max(Arrived(position, channel[..|channel| - 1]),
          if channel[|channel| - 1].data == [] then 0 else channel[|channel| - 1].End())
  }

  /** No message in the channel will find the server before its first byte. */
  predicate Gapless(position: nat, channel: seq<Message>) {
    channel == [] ||
    (&& Gapless(position, channel[..|channel| - 1])
     && channel[|channel| - 1].seqNum <= Arrived(position, channel[..|channel| - 1]))
  }

  lemma {:induction false} DeliverFirst(position: nat, channel: seq<Message>)
    requires channel != []
    ensures var m := channel[0];
            var after := if m.data == [] then position else Max(position, m.End());
            && Arrived(position, channel) == Arrived(after, channel[1..])
            && (Gapless(position, channel) ==> m.seqNum <= position && Gapless(after, channel[1..]))
  {
    var n := |channel| - 1;
    if n == 0 {
      assert channel[..0] == [];
    } else {
      DeliverFirst(position, channel[..n]);
      assert channel[..n][1..] == channel[1..][..n - 1];
    }
  }

  lemma AppendLast(position: nat, channel: seq<Message>, m: Message)
    requires Gapless(position, channel) && m.seqNum <= Arrived(position, channel)
    ensures Gapless(position, channel + [m])
    ensures m.End() <= Arrived(position, channel + [m])
    ensures Arrived(position, channel) <= Arrived(position, channel + [m])
  {
    assert (channel + [m])[..|channel|] == channel;
  }

  // --- The invariant ---

  function SenderOf(s: System): Sender {
    Sender(s.stream, s.host.seqNum, s.host.seqOutdated, s.highest)
  }

  ghost predicate AllTrue(messages: seq<Message>, stream: Bytes) {
    forall m <- messages :: m.TrueOf(stream)
  }

  /** What was accepted is true and has no holes. */
  ghost predicate Whole(l: Ledger, stream: Bytes) {
    AllTrue(l.entries, stream) && forall i :: 0 <= i < |l.entries| ==> Contiguous(l.entries, i)
  }

  /** The terminal has not sent up to a position that the server will not have reached. */
  ghost predicate Sound(s: System, chunkNum: int) {
    && Subscriber.Consistent(s.server, chunkNum)
    && Whole(s.server.ledger, s.stream)
    && AllTrue(s.channel, s.stream)
    && Gapless(s.server.store.seqNum, s.channel)
    && (!s.host.failed ==>
          && Windows(s.host, SenderOf(s))
          && s.host.seqNum <= Arrived(s.server.store.seqNum, s.channel))
  }

  lemma AllTrueStays(messages: seq<Message>, stream: Bytes, more: Bytes)
    requires AllTrue(messages, stream)
    ensures AllTrue(messages, stream + more)
  {
    forall m <- messages ensures m.TrueOf(stream + more) {
      StaysTrue(m, stream, more);
    }
  }

  lemma ProduceKeepsSound(s: System, chunkNum: int, data: Bytes)
    requires Sound(s, chunkNum)
    ensures Sound(Next(s, Produce(data)), chunkNum)
  {
    if !s.host.failed && data != [] {
      ReadRefines(s.host, SenderOf(s), data);
      AllTrueStays(s.channel, s.stream, data);
      AllTrueStays(s.server.ledger.entries, s.stream, data);
      var e := Emit(SenderOf(s), data);
      MessageIsFramed(SenderOf(s), data);
      if s.host.contentOffset <= s.host.seqNum {
        AppendLast(s.server.store.seqNum, s.channel, e.message);
      } else {
        assert s.channel + [] == s.channel;
      }
    } else {
      assert s.stream + [] == s.stream && s.channel + [] == s.channel;
    }
  }

  lemma AcceptKeepsWhole(l: Ledger, m: Message, stream: Bytes)
    requires Whole(l, stream) && Ordered(l) && m.TrueOf(stream) && m.seqNum <= l.seqNum
    ensures Whole(Accept(l, m), stream)
  {
    var n := NewPart(l.seqNum, m);
    if n.Some? {
      assert n.value.TrueOf(stream);
      forall i | 0 <= i <= |l.entries| ensures Contiguous(l.entries + [n.value], i) {
        if i < |l.entries| {
          assert Contiguous(l.entries, i);
        }
      }
    }
  }

  lemma DeliverKeepsSound(s: System, chunkNum: int)
    requires Sound(s, chunkNum)
    ensures Sound(Next(s, Deliver), chunkNum)
  {
    if s.channel != [] {
      var m := s.channel[0];
      var l := s.server.ledger;
      DeliverFirst(s.server.store.seqNum, s.channel);
      Subscriber.AddKeepsConsistent(s.server, chunkNum, m);
      AcceptKeepsOrder(l, m);
      AcceptKeepsWhole(l, m, s.stream);
    }
  }

  lemma {:induction false} RunKeepsSound(s: System, chunkNum: int, moves: seq<Move>)
    requires Sound(s, chunkNum)
    ensures Sound(Run(s, moves), chunkNum)
  {
    if moves == [] {
    } else {
      RunKeepsSound(s, chunkNum, moves[..|moves| - 1]);
      var t := Run(s, moves[..|moves| - 1]);
      match moves[|moves| - 1]
      case Produce(data) => ProduceKeepsSound(t, chunkNum, data);
      case Deliver => DeliverKeepsSound(t, chunkNum);
      case Report =>
      case Handle(_) =>
      case View => Subscriber.LookKeepsConsistent(t.server, chunkNum);
    }
  }

  /** On every run, whatever is read, delivered, reported and pruned in whatever order, all
      that reaches the server is true and nothing is missing in between. */
  lemma SystemIsSound(chunkNum: int, moves: seq<Move>)
    ensures Sound(Run(Initial(chunkNum), moves), chunkNum)
  {
    FreshIsCut();
    RunKeepsSound(Initial(chunkNum), chunkNum, moves);
  }

  // --- The parts of the system ---

  /** What the moves are to the terminal alone. */
  function Actions(chunkNum: int, moves: seq<Move>): seq<Action> {
    if moves == [] then []
    else
      var before := moves[..|moves| - 1];
      Actions(chunkNum, before) +
      match moves[|moves| - 1]
      case Produce(data) => [Read(data)]
      case Handle(position) => if position in Run(Initial(chunkNum), before).reported then [Sync(position)] else []
      case _ => []
  }

  lemma OneMoreAction(actions: seq<Action>, a: Action)
    ensures RunHost(INITIAL, actions + [a]) ==
            match a
            case Sync(position) =>
              RunHost(INITIAL, actions).(host := AfterSync(RunHost(INITIAL, actions).host, position))
            case Read(data) =>
              var r := AfterRead(RunHost(INITIAL, actions).host, data);
              HostTrace(r.host, RunHost(INITIAL, actions).sent + (if r.sent.Some? then [r.sent.value] else []))
  {
    assert (actions + [a])[..|actions|] == actions;
  }

  /** The server has accepted the first `n` messages in order, and the others are in the
      channel. */
  ghost predicate Splits(s: System, sent: seq<Message>, n: nat) {
    && n <= |sent| && s.channel == sent[n..]
    && s.server.ledger == AcceptAll(EMPTY, sent[..n]) && s.server.store == AddAll(NEW_STORE, sent[..n])
  }

  lemma DeliverSplits(s: System, sent: seq<Message>, n: nat)
    requires Splits(s, sent, n) && n < |sent|
    ensures Splits(Next(s, Deliver), sent, n + 1)
  {
    assert sent[..n + 1] == sent[..n] + [sent[n]];
    AddOneMore(sent[..n], sent[n]);
  }

  lemma ProduceSplits(s: System, sent: seq<Message>, n: nat, data: Bytes)
    requires Splits(s, sent, n)
    ensures var r := AfterRead(s.host, data);
            Splits(Next(s, Produce(data)), sent + (if r.sent.Some? then [r.sent.value] else []), n)
  {
    var r := AfterRead(s.host, data);
    var more := if r.sent.Some? then [r.sent.value] else [];
    assert (sent + more)[..n] == sent[..n] && (sent + more)[n..] == sent[n..] + more;
    assert s.channel + [] == s.channel;
  }

  /** The terminal is what it is without server and channel. */
  lemma {:induction false} HostIsTerminal(chunkNum: int, moves: seq<Move>)
    ensures Run(Initial(chunkNum), moves).host == RunHost(INITIAL, Actions(chunkNum, moves)).host
  {
    if moves == [] {
    } else {
      var actions := Actions(chunkNum, moves[..|moves| - 1]);
      HostIsTerminal(chunkNum, moves[..|moves| - 1]);
      assert actions + [] == actions;
      match moves[|moves| - 1]
      case Produce(data) => OneMoreAction(actions, Read(data));
      case Handle(position) => OneMoreAction(actions, Sync(position));
      case _ =>
    }
  }

  /** Every message that the terminal sent has been accepted or is in the channel. */
  lemma {:induction false} NothingIsLost(chunkNum: int, moves: seq<Move>) returns (n: nat)
    ensures Splits(Run(Initial(chunkNum), moves), RunHost(INITIAL, Actions(chunkNum, moves)).sent, n)
  {
    if moves == [] {
      n := 0;
    } else {
      var before := moves[..|moves| - 1];
      var s := Run(Initial(chunkNum), before);
      var actions := Actions(chunkNum, before);
      var sent := RunHost(INITIAL, actions).sent;
      n := NothingIsLost(chunkNum, before);
      assert actions + [] == actions;
      match moves[|moves| - 1]
      case Produce(data) =>
        HostIsTerminal(chunkNum, before);
        OneMoreAction(actions, Read(data));
        ProduceSplits(s, sent, n, data);
      case Handle(position) => OneMoreAction(actions, Sync(position));
      case Deliver =>
        if n < |sent| {
          DeliverSplits(s, sent, n);
          n := n + 1;
        }
      case _ =>
    }
  }

  predicate ReportedAt(chunkNum: int, moves: seq<Move>, i: nat, position: nat)
    requires i < |moves|
  {
    moves[i].Report? && position == Run(Initial(chunkNum), moves[..i]).server.store.seqNum
  }

  lemma NextReported(s: System, move: Move)
    ensures Next(s, move).reported == if move.Report? then s.reported + {s.server.store.seqNum} else s.reported
  {
  }

  /** The positions that the terminal may be told are those where the server was when it
      reported. */
  lemma {:induction false} ReportedIff(chunkNum: int, moves: seq<Move>, position: nat)
    ensures position in Run(Initial(chunkNum), moves).reported <==>
            exists i :: 0 <= i < |moves| && ReportedAt(chunkNum, moves, i, position)
  {
    if moves == [] {
    } else {
      var n := |moves| - 1;
      ReportedIff(chunkNum, moves[..n], position);
      NextReported(Run(Initial(chunkNum), moves[..n]), moves[n]);
      forall i | 0 <= i < n
        ensures ReportedAt(chunkNum, moves[..n], i, position) == ReportedAt(chunkNum, moves, i, position)
      {
        assert moves[..n][..i] == moves[..i];
      }
      assert ReportedAt(chunkNum, moves, n, position) <==>
        moves[n].Report? && position == Run(Initial(chunkNum), moves[..n]).server.store.seqNum;
    }
  }

  // --- What the server and the viewer have ---

  lemma {:induction false} WholeJoins(l: Ledger, stream: Bytes, n: nat)
    requires Ordered(l) && Whole(l, stream) && n <= |l.entries|
    ensures Previous(l.entries, n) <= |stream|
    ensures Concat(Chunks(l.entries)[..n]) == stream[..Previous(l.entries, n)]
  {
    var chunks := Chunks(l.entries);
    if n == 0 {
    } else {
      WholeJoins(l, stream, n - 1);
      assert Contiguous(l.entries, n - 1);
      assert l.entries[n - 1] in l.entries;
      ConcatNext(chunks, n - 1);
    }
  }

  lemma ChunkRange(l: Ledger, stream: Bytes, i: nat, j: nat)
    requires Ordered(l) && Whole(l, stream) && i <= j <= |l.entries|
    ensures var from := Total(Chunks(l.entries)[..i]);
            var bytes := Concat(Chunks(l.entries)[i..j]);
            from + |bytes| == Total(Chunks(l.entries)[..j]) <= |stream| && bytes == stream[from..from + |bytes|]
  {
    var chunks := Chunks(l.entries);
    WholeJoins(l, stream, i);
    WholeJoins(l, stream, j);
    assert chunks[..j] == chunks[..i] + chunks[i..j];
    ConcatAppend(chunks[..i], chunks[i..j]);
  }

  /** The server holds exactly the bytes of the stream from `byte_offset` to `seq_num`. */
  lemma ServerHoldsStream(chunkNum: int, moves: seq<Move>)
    ensures var s := Run(Initial(chunkNum), moves);
            var st := s.server.store;
            && st.byteOffset <= st.seqNum <= |s.stream|
            && Concat(st.data) == s.stream[st.byteOffset..st.seqNum]
  {
    SystemIsSound(chunkNum, moves);
    var s := Run(Initial(chunkNum), moves);
    var l := s.server.ledger;
    ChunkRange(l, s.stream, s.server.store.chunkOffset, |l.entries|);
    WholeJoins(l, s.stream, |l.entries|);
    assert Chunks(l.entries)[..|l.entries|] == Chunks(l.entries);
  }

  /** Whatever the viewer gets is labelled with its position in the stream and has the bytes
      of the stream there. */
  lemma ViewerSeesStream(chunkNum: int, moves: seq<Move>)
    ensures var s := Run(Initial(chunkNum), moves);
            forall a <- s.server.visits :: a.yielded.Some? ==>
              Message(a.yielded.value.byteNum, Concat(a.yielded.value.chunks)).TrueOf(s.stream)
  {
    SystemIsSound(chunkNum, moves);
    var s := Run(Initial(chunkNum), moves);
    forall a <- s.server.visits | a.yielded.Some?
      ensures Message(a.yielded.value.byteNum, Concat(a.yielded.value.chunks)).TrueOf(s.stream)
    {
      assert Subscriber.Exact(s.server.ledger, a);
      ChunkRange(s.server.ledger, s.stream, Max(a.from, a.pruned), a.to);
    }
  }

  /** All the bytes that the viewer was given, in order. */
  function Seen(visits: seq<Subscriber.Visit>): Bytes {
    if visits == [] then []
    else
      var a := visits[|visits| - 1];
      Seen(visits[..|visits| - 1]) + (if a.yielded.Some? then Concat(a.yielded.value.chunks) else [])
  }

  lemma YieldFollows(l: Ledger, stream: Bytes, a: Subscriber.Visit)
    requires Ordered(l) && Whole(l, stream) && Subscriber.Exact(l, a) && a.pruned <= a.from < a.to
    ensures a.yielded.Some? && Previous(l.entries, a.from) <= Previous(l.entries, a.to) <= |stream|
    ensures stream[..Previous(l.entries, a.from)] + Concat(a.yielded.value.chunks)
            == stream[..Previous(l.entries, a.to)]
  {
    ChunkRange(l, stream, a.from, a.to);
    WholeJoins(l, stream, a.from);
    WholeJoins(l, stream, a.to);
  }

  lemma {:induction false} SeenJoins(l: Ledger, stream: Bytes, visits: seq<Subscriber.Visit>, n: nat)
    requires Ordered(l) && Whole(l, stream) && n <= |visits|
    requires forall a <- visits :: Subscriber.Exact(l, a) && a.pruned <= a.from
    requires forall i :: 0 <= i < |visits| ==> Subscriber.Linked(0, visits, i)
    ensures var cursor := Subscriber.CursorBefore(0, visits, n);
            && 0 <= cursor <= |l.entries| && Previous(l.entries, cursor) <= |stream|
            && Seen(visits[..n]) == stream[..Previous(l.entries, cursor)]
  {
    if n == 0 {
    } else {
      var a := visits[n - 1];
      SeenJoins(l, stream, visits, n - 1);
      assert visits[..n][..n - 1] == visits[..n - 1];
      assert a in visits && Subscriber.Linked(0, visits, n - 1);
      if a.from < a.to {
        YieldFollows(l, stream, a);
      }
    }
  }

  lemma ViewReachesEnd(chunkNum: int, moves: seq<Move>)
    requires moves != [] && moves[|moves| - 1].View?
    ensures var server := Run(Initial(chunkNum), moves).server;
            |server.ledger.entries| <= server.chunkNum
  {
    SystemIsSound(chunkNum, moves[..|moves| - 1]);
    Subscriber.LookKeepsConsistent(Run(Initial(chunkNum), moves[..|moves| - 1]).server, chunkNum);
  }

  /** A viewer that subscribed from the start and was never outrun by pruning has seen an
      exact prefix of the stream, and after each look all that has been delivered. */
  lemma UnprunedViewerSeesPrefix(moves: seq<Move>)
    requires forall a <- Run(Initial(0), moves).server.visits :: a.pruned <= a.from
    ensures var s := Run(Initial(0), moves);
            && Seen(s.server.visits) <= s.stream
            && (s.server.chunkNum == |s.server.ledger.entries| ==> |Seen(s.server.visits)| == s.server.store.seqNum)
            && (moves != [] && moves[|moves| - 1].View? ==> s.server.chunkNum == |s.server.ledger.entries|)
  {
    SystemIsSound(0, moves);
    var s := Run(Initial(0), moves);
    if moves != [] && moves[|moves| - 1].View? {
      ViewReachesEnd(0, moves);
    }
    var visits := s.server.visits;
    SeenJoins(s.server.ledger, s.stream, visits, |visits|);
    assert visits[..|visits|] == visits;
  }

  /** The server is at the end of the stream and holds its last 2 MiB, or all of it. */
  ghost predicate Complete(s: System) {
    var st := s.server.store;
    && st.seqNum == |s.stream|
    && st.byteOffset <= |s.stream| && Concat(st.data) == s.stream[st.byteOffset..]
    && (|Concat(st.data)| >= 2097152 || Concat(st.data) == s.stream)
  }

  /** When the terminal has sent everything and everything was delivered, the server is
      complete. */
  lemma QuiescentServerIsComplete(chunkNum: int, moves: seq<Move>)
    requires var s := Run(Initial(chunkNum), moves);
             !s.host.failed && s.channel == [] && s.host.seqNum == s.host.Produced()
    ensures Complete(Run(Initial(chunkNum), moves))
  {
    SystemIsSound(chunkNum, moves);
    ServerHoldsStream(chunkNum, moves);
  }
}

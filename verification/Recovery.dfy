/** What a terminal that was moved back by the server's reports does: it recovers completely
    if the server was not too far behind, and stops for good otherwise. */
module Recovery {
  import opened Bytes
  import opened HostRuns
  import opened HostSender
  import opened Replication
  import opened StreamSender
  import opened Utf8

  ghost predicate Ready(s: System) {
    !s.host.failed && s.host.contentOffset <= s.host.seqNum
  }

  // --- No failure while the server is at most 8 MiB behind ---

  /** Every report that the terminal handles is at most 8 MiB behind the highest
      position its cursor ever had. */
  ghost predicate ReportsAreClose(chunkNum: int, moves: seq<Move>) {
    forall i :: 0 <= i < |moves| && moves[i].Handle? ==>
      Replication.Run(Initial(chunkNum), moves[..i]).highest <= moves[i].position + 8388608
  }

  lemma {:induction false} CloseReportsNeverFail(chunkNum: int, moves: seq<Move>)
    requires ReportsAreClose(chunkNum, moves)
    ensures Ready(Replication.Run(Initial(chunkNum), moves))
  {
    if moves == [] {
    } else {
      var n := |moves| - 1;
      forall i | 0 <= i < n && moves[..n][i].Handle?
        ensures Replication.Run(Initial(chunkNum), moves[..n][..i]).highest
                <= moves[..n][i].position + 8388608
      {
        assert moves[..n][..i] == moves[..i];
      }
      CloseReportsNeverFail(chunkNum, moves[..n]);
      SystemIsSound(chunkNum, moves[..n]);
      var s := Replication.Run(Initial(chunkNum), moves[..n]);
      if moves[n].Produce? && moves[n].data != [] {
        ReadRefines(s.host, SenderOf(s), moves[n].data);
      } else if moves[n].Handle? {
        assert s.highest <= moves[n].position + 8388608;
      }
    }
  }

  // --- Recovery ---

  /** What the terminal reads in a run, read by read. */
  function Outputs(moves: seq<Move>): seq<Bytes> {
    if moves == [] then []
    else
      var last := moves[|moves| - 1];
      Outputs(moves[..|moves| - 1]) + (if last.Produce? && last.data != [] then [last.data] else [])
  }

  function Reading(outputs: seq<Bytes>): (actions: seq<Action>)
    ensures |actions| == |outputs|
  {
    seq(|outputs|, i requires 0 <= i < |outputs| => Read(outputs[i]))
  }

  lemma ReadOneMore(h: Host, outputs: seq<Bytes>, data: Bytes)
    ensures RunHost(h, Reading(outputs + [data])).host == AfterRead(RunHost(h, Reading(outputs)).host, data).host
  {
    assert Reading(outputs + [data])[..|outputs|] == Reading(outputs);
  }

  /** In a run without reports the terminal does what it does without server and channel. */
  lemma {:induction false} LaterIsReading(s: System, later: seq<Move>)
    requires forall m <- later :: !m.Handle?
    ensures Replication.Run(s, later).host == RunHost(s.host, Reading(Outputs(later))).host
  {
    if later == [] {
    } else {
      var n := |later| - 1;
      var before := later[..n];
      assert later[n] in later && forall m <- before :: m in later;
      LaterIsReading(s, before);
      assert Outputs(before) + [] == Outputs(before);
      if later[n].Produce? && later[n].data != [] {
        ReadOneMore(s.host, Outputs(before), later[n].data);
      }
    }
  }

  lemma {:induction false} StreamOfReading(s: Sender, outputs: seq<Bytes>)
    requires s.Valid()
    ensures StreamSender.Run(s, Reading(outputs)).sender.stream == s.stream + Concat(outputs)
  {
    if outputs == [] {
    } else {
      var n := |outputs| - 1;
      assert Reading(outputs)[..n] == Reading(outputs[..n]);
      StreamOfReading(s, outputs[..n]);
      assert outputs[..n + 1] == outputs;
      ConcatNext(outputs, n);
    }
  }

  function Delivers(n: nat): (moves: seq<Move>)
    ensures |moves| == n
  {
    if n == 0 then [] else Delivers(n - 1) + [Deliver]
  }

  lemma {:induction false} DeliversDrain(s: System, n: nat)
    requires n <= |s.channel|
    ensures var r := Replication.Run(s, Delivers(n));
            r.channel == s.channel[n..] && r.stream == s.stream && r.host == s.host
  {
    if n == 0 {
    } else {
      assert Delivers(n)[..n - 1] == Delivers(n - 1);
      DeliversDrain(s, n - 1);
    }
  }

  lemma {:induction false} RunInTwo(s: System, first: seq<Move>, second: seq<Move>)
    ensures Replication.Run(s, first + second) == Replication.Run(Replication.Run(s, first), second)
  {
    if second == [] {
      assert first + second == first;
    } else {
      assert (first + second)[..|first + second| - 1] == first + second[..|second| - 1];
      RunInTwo(s, first, second[..|second| - 1]);
    }
  }

  lemma DrainedIsComplete(chunkNum: int, moves: seq<Move>)
    requires var s := Replication.Run(Initial(chunkNum), moves);
             !s.host.failed && s.host.seqNum == s.host.Produced()
    ensures var s := Replication.Run(Initial(chunkNum), moves);
            Complete(Replication.Run(s, Delivers(|s.channel|)))
  {
    var s := Replication.Run(Initial(chunkNum), moves);
    DeliversDrain(s, |s.channel|);
    RunInTwo(Initial(chunkNum), moves, Delivers(|s.channel|));
    QuiescentServerIsComplete(chunkNum, moves + Delivers(|s.channel|));
  }

  /** From any state a run can reach with the cursor inside the window, rewound or not, and
      whatever reads, deliveries, reports and looks follow in whatever order: once enough is
      read to make up the backlog and the rest of the channel has been delivered, the server
      is at the end of the stream and holds its last 2 MiB or all of it. */
  lemma RecoveredServerIsComplete(chunkNum: int, earlier: seq<Move>, later: seq<Move>, readSize: nat)
    requires Ready(Replication.Run(Initial(chunkNum), earlier))
    requires forall m <- later :: !m.Handle?
    requires Outputs(later) != [] && readSize < 65530 && forall o <- Outputs(later) :: 1 <= |o| <= readSize
    requires ShortCharacters(Replication.Run(Initial(chunkNum), earlier).stream + Concat(Outputs(later)))
    requires SenderOf(Replication.Run(Initial(chunkNum), earlier)).Backlog() <= |Outputs(later)| * (65530 - readSize)
    ensures var s := Replication.Run(Initial(chunkNum), earlier + later);
            Complete(Replication.Run(s, Delivers(|s.channel|)))
  {
    var start := Replication.Run(Initial(chunkNum), earlier);
    RunInTwo(Initial(chunkNum), earlier, later);
    SystemIsSound(chunkNum, earlier);
    StreamOfReading(SenderOf(start), Outputs(later));
    TerminalCatchesUp(start.host, SenderOf(start), Reading(Outputs(later)), readSize);
    LaterIsReading(start, later);
    DrainedIsComplete(chunkNum, earlier + later);
  }

  // --- A run that stops for good ---

  const BLOCK := 16384

  function Letters(n: nat): (s: Bytes)
    ensures |s| == n && forall i :: 0 <= i < n ==> s[i] == 97
  {
    seq(n, _ => 97)
  }

  function Blocks(n: nat): (moves: seq<Move>)
    ensures |moves| == n
  {
    if n == 0 then [] else Blocks(n - 1) + [Produce(Letters(BLOCK))]
  }

  lemma SpanOfLetters(n: nat, from: nat)
    requires from <= n <= from + CONTENT_CHUNK_SIZE
    ensures PrevBoundary(Letters(n), from) == from && NextSpan(Letters(n), from) == Span(from, n)
  {
    assert IsBoundary(Letters(n), from);
    assert IsBoundary(Letters(n), n);
  }

  lemma ReadBlock(n: nat)
    requires n <= 768
    ensures var h := Host(Letters(n * BLOCK), 0, n * BLOCK, 0, false);
            AfterRead(h, Letters(BLOCK)).host ==
            if n < 768 then Host(Letters((n + 1) * BLOCK), 0, (n + 1) * BLOCK, 0, false)
            else Host(Letters(CONTENT_ROLLING_BYTES), 769 * BLOCK - CONTENT_ROLLING_BYTES, 769 * BLOCK, 0, false)
  {
    var total := (n + 1) * BLOCK;
    assert Letters(n * BLOCK) + Letters(BLOCK) == Letters(total);
    SpanOfLetters(total, n * BLOCK);
    if n == 768 {
      var pruned := total - CONTENT_ROLLING_BYTES;
      assert IsBoundary(Letters(total), pruned);
      assert Letters(total)[pruned..] == Letters(CONTENT_ROLLING_BYTES);
    }
  }

  lemma {:induction false} ReadBlocks(n: nat)
    requires n <= 768
    ensures var s := Replication.Run(Initial(0), Blocks(n));
            && s.host == Host(Letters(n * BLOCK), 0, n * BLOCK, 0, false)
            && s.server == Initial(0).server && s.reported == {}
  {
    if n == 0 {
      assert Letters(0) == [];
    } else {
      assert Blocks(n)[..n - 1] == Blocks(n - 1);
      ReadBlocks(n - 1);
      ReadBlock(n - 1);
    }
  }

  /** The stale report, handled three times. */
  const THREE_REPORTS: seq<Move> := [] + [Report] + [Handle(0)] + [Handle(0)] + [Handle(0)]

  lemma RunOne(s: System, moves: seq<Move>, move: Move)
    ensures Replication.Run(s, moves + [move]) == Next(Replication.Run(s, moves), move)
  {
    assert (moves + [move])[..|moves|] == moves;
  }

  lemma ThreeReports(s: System)
    requires s.server.store.seqNum == 0 && s.host.seqOutdated == 0 && s.host.seqNum > 0
    ensures Replication.Run(s, THREE_REPORTS).host == s.host.(seqNum := 0, seqOutdated := 3)
  {
    RunOne(s, [], Report);
    RunOne(s, [] + [Report], Handle(0));
    RunOne(s, [] + [Report] + [Handle(0)], Handle(0));
    RunOne(s, [] + [Report] + [Handle(0)] + [Handle(0)], Handle(0));
  }

  /** The channel loses nothing and keeps its order, every read returns 16384 bytes, the
      output is plain ASCII. But 769 reads are on their way when the server reports that it
      has nothing: after three copies of that report the next read raises, the read loop
      ends, and the terminal's output stops. */
  lemma StaleReportsStopTerminal()
    ensures Replication.Run(Initial(0), Blocks(769) + THREE_REPORTS + [Produce(Letters(1))]).host.failed
    ensures Replication.Run(Initial(0), Blocks(769)).channel != []
  {
    ReadBlocks(768);
    ReadBlock(768);
    RunOne(Initial(0), Blocks(768), Produce(Letters(BLOCK)));
    RunInTwo(Initial(0), Blocks(769), THREE_REPORTS);
    ThreeReports(Replication.Run(Initial(0), Blocks(769)));
    RunOne(Initial(0), Blocks(769) + THREE_REPORTS, Produce(Letters(1)));
  }
}
